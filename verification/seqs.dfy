/** Sequence operations shared by the models: the JavaScript array methods the
    source relies on (`filter`, `findIndex`, `splice`, `slice`, `includes`,
    `new Set`), each stated once. */
module Seqs {
  import opened Wrappers

  /** No element occurs twice. */
  predicate NoDup<T(==)>(s: seq<T>) {
    forall i, j | 0 <= i < j < |s| :: s[i] != s[j]
  }

  /** `a` occurs in `b` in the same relative order (an order-preserving subsequence). */
  ghost predicate IsSubseq<T>(a: seq<T>, b: seq<T>)
    decreases |b|
  {
    if |a| == 0 then true
    else if |b| == 0 then false
    else if a[0] == b[0] then IsSubseq(a[1..], b[1..])
    else IsSubseq(a, b[1..])
  }

  /** `Array.prototype.filter`. */
  function Filter<T(!new)>(s: seq<T>, p: T -> bool): (r: seq<T>)
    ensures |r| <= |s|
    ensures forall x :: x in r <==> x in s && p(x)
    ensures forall i | 0 <= i < |r| :: p(r[i])
  {
    if |s| == 0 then []
    else if p(s[0]) then [s[0]] + Filter(s[1..], p)
    else Filter(s[1..], p)
  }

  /** `Array.prototype.map`. */
  function Map<T, U>(s: seq<T>, f: T -> U): (r: seq<U>)
    ensures |r| == |s|
    ensures forall i | 0 <= i < |s| :: r[i] == f(s[i])
  {
    seq(|s|, i requires 0 <= i < |s| => f(s[i]))
  }

  lemma {:induction false} FilterIsSubseq<T(!new)>(s: seq<T>, p: T -> bool)
    ensures IsSubseq(Filter(s, p), s)
  {
    if |s| > 0 {
      FilterIsSubseq(s[1..], p);
      if !p(s[0]) {
        SubseqDropHead(Filter(s[1..], p), s);
      }
    }
  }

  /** A subsequence of the tail is a subsequence of the whole. */
  lemma {:induction false} SubseqDropHead<T>(a: seq<T>, b: seq<T>)
    requires |b| > 0 && IsSubseq(a, b[1..])
    ensures IsSubseq(a, b)
    decreases |b|
  {
    if |a| > 0 && a[0] == b[0] {
      assert |b| > 1;
      SubseqTail(a, b[1..]);
      assert b[1..][1..] == b[2..];
      SubseqDropHead(a[1..], b[1..]);
    }
  }

  /** Dropping the first element of a subsequence keeps it a subsequence of
      the tail of the sequence it was matched in. */
  lemma {:induction false} SubseqTail<T>(a: seq<T>, b: seq<T>)
    requires |a| > 0 && IsSubseq(a, b)
    ensures IsSubseq(a[1..], b[1..])
    decreases |b|
  {
    if a[0] != b[0] {
      SubseqTail(a, b[1..]);
      SubseqDropHead(a[1..], b[1..]);
    }
  }

  /** A subsequence is never longer than the sequence it is taken from. */
  lemma {:induction false} SubseqLength<T>(a: seq<T>, b: seq<T>)
    requires IsSubseq(a, b)
    ensures |a| <= |b|
    decreases |b|
  {
    if |a| > 0 {
      if a[0] == b[0] {
        SubseqLength(a[1..], b[1..]);
      } else {
        SubseqLength(a, b[1..]);
      }
    }
  }

  lemma {:induction false} FilterNoDup<T(!new)>(s: seq<T>, p: T -> bool)
    requires NoDup(s)
    ensures NoDup(Filter(s, p))
  {
    if |s| > 0 {
      assert NoDup(s[1..]) by {
        forall i, j | 0 <= i < j < |s[1..]| ensures s[1..][i] != s[1..][j] {
          assert s[1..][i] == s[i + 1] && s[1..][j] == s[j + 1];
        }
      }
      FilterNoDup(s[1..], p);
      if p(s[0]) {
        assert s[0] !in s[1..] by {
          forall k | 0 <= k < |s[1..]| ensures s[1..][k] != s[0] {
            assert s[1..][k] == s[k + 1];
          }
        }
        var r := Filter(s[1..], p);
        forall i, j | 0 <= i < j < |[s[0]] + r| ensures ([s[0]] + r)[i] != ([s[0]] + r)[j] {
          if i == 0 {
            assert ([s[0]] + r)[j] == r[j - 1];
            assert r[j - 1] in r;
          } else {
            assert ([s[0]] + r)[i] == r[i - 1] && ([s[0]] + r)[j] == r[j - 1];
          }
        }
      }
    }
  }

  /** Filtering by a predicate every element satisfies changes nothing. */
  lemma {:induction false} FilterAll<T(!new)>(s: seq<T>, p: T -> bool)
    requires forall i | 0 <= i < |s| :: p(s[i])
    ensures Filter(s, p) == s
  {
    if |s| > 0 {
      assert forall i | 0 <= i < |s[1..]| :: p(s[1..][i]) by {
        forall i | 0 <= i < |s[1..]| ensures p(s[1..][i]) {
          assert s[1..][i] == s[i + 1];
        }
      }
      FilterAll(s[1..], p);
      assert s == [s[0]] + s[1..];
    }
  }

  /** A non-empty sequence is its front followed by its last element. */
  lemma LastSplit<T>(s: seq<T>)
    requires |s| > 0
    ensures s == s[..|s| - 1] + [s[|s| - 1]]
  {
  }

  /** Filtering by a predicate no element satisfies leaves nothing. */
  lemma {:induction false} FilterNone<T(!new)>(s: seq<T>, p: T -> bool)
    requires forall i | 0 <= i < |s| :: !p(s[i])
    ensures Filter(s, p) == []
  {
    if |s| > 0 {
      assert forall i | 0 <= i < |s[1..]| :: !p(s[1..][i]) by {
        forall i | 0 <= i < |s[1..]| ensures !p(s[1..][i]) {
          assert s[1..][i] == s[i + 1];
        }
      }
      FilterNone(s[1..], p);
    }
  }

  /** Filtering distributes over concatenation. */
  lemma {:induction false} FilterAppend<T(!new)>(a: seq<T>, b: seq<T>, p: T -> bool)
    ensures Filter(a + b, p) == Filter(a, p) + Filter(b, p)
  {
    if |a| == 0 {
      assert a + b == b;
    } else {
      assert (a + b)[1..] == a[1..] + b;
      assert (a + b)[0] == a[0];
      FilterAppend(a[1..], b, p);
    }
  }

  /** The number of elements satisfying `p` after one more element is appended. */
  lemma FilterSnoc<T(!new)>(s: seq<T>, x: T, p: T -> bool)
    ensures |Filter(s + [x], p)| == |Filter(s, p)| + (if p(x) then 1 else 0)
  {
    FilterAppend(s, [x], p);
    assert [x][1..] == [];
  }

  /** `s[..i] + s[i+1..]`: the sequence without the element at `i`. */
  function RemoveAt<T>(s: seq<T>, i: nat): (r: seq<T>)
    requires i < |s|
    ensures |r| == |s| - 1
    ensures forall k | 0 <= k < i :: r[k] == s[k]
    ensures forall k | i <= k < |r| :: r[k] == s[k + 1]
    ensures multiset(r) + multiset{s[i]} == multiset(s)
  {
    assert s == s[..i] + [s[i]] + s[i + 1..];
    s[..i] + s[i + 1..]
  }

  /** `s[..i] + [x] + s[i..]`: `x` inserted so that it sits at index `i`. */
  function InsertAt<T>(s: seq<T>, i: nat, x: T): (r: seq<T>)
    requires i <= |s|
    ensures |r| == |s| + 1
    ensures r[i] == x
    ensures forall k | 0 <= k < i :: r[k] == s[k]
    ensures forall k | i < k < |r| :: r[k] == s[k - 1]
    ensures multiset(r) == multiset(s) + multiset{x}
  {
    assert s == s[..i] + s[i..];
    s[..i] + [x] + s[i..]
  }

  /** How JavaScript's `splice` and `slice` turn a relative index into a
      position in an array of length `len`: negative values count from the
      end, and the result is clamped to `[0, len]`. */
  function RelIndex(len: nat, i: int): (k: nat)
    ensures k <= len
    ensures 0 <= i <= len ==> k == i
    ensures i > len ==> k == len
    ensures i < 0 ==> k == (if len + i < 0 then 0 else len + i)
  {
    if i < 0 then (if len + i < 0 then 0 else len + i)
    else if i > len then len
    else i
  }

  /** `Array.prototype.slice(start, end)`. */
  function JsSlice<T>(s: seq<T>, start: int, end: int): (r: seq<T>)
    ensures |r| <= |s|
    ensures 0 <= start <= end <= |s| ==> r == s[start..end]
    ensures 0 <= start && |s| <= start ==> r == []
  {
    var from := RelIndex(|s|, start);
    var to := RelIndex(|s|, end);
    if from < to then s[from..to] else []
  }

  /** True when `splice(i, 1)` on an array of length `len` removes an element. */
  predicate SpliceRemoves(len: nat, i: int) {
    RelIndex(len, i) < len
  }

  /** `const [x] = a.splice(from, 1); a.splice(to, 0, x);` — the drag-and-drop
      reorder: the element at `from` is taken out, and `to` is read against
      the shortened array. */
  function Move<T>(s: seq<T>, from: int, to: int): (r: seq<T>)
    requires SpliceRemoves(|s|, from)
    ensures |r| == |s|
    ensures multiset(r) == multiset(s)
    ensures r[RelIndex(|s| - 1, to)] == s[RelIndex(|s|, from)]
  {
    var k := RelIndex(|s|, from);
    var rest := RemoveAt(s, k);
    InsertAt(rest, RelIndex(|rest|, to), s[k])
  }

  /** Moving from `i` to `j` and back from `j` to `i` restores the sequence. */
  lemma MoveRoundTrip<T>(s: seq<T>, i: nat, j: nat)
    requires i < |s| && j < |s|
    ensures Move(Move(s, i, j), j, i) == s
  {
    var m := Move(s, i, j);
    var rest := RemoveAt(s, i);
    assert m == InsertAt(rest, j, s[i]);
    assert RemoveAt(m, j) == rest;
    assert InsertAt(rest, i, s[i]) == s;
  }

  /** An element is a member after `RemoveAt` iff it was a member other than the removed one
      (when the sequence has no duplicates). */
  lemma RemoveAtMembership<T>(s: seq<T>, i: nat, y: T)
    requires i < |s| && NoDup(s)
    ensures y in RemoveAt(s, i) <==> y in s && y != s[i]
  {
    var r := RemoveAt(s, i);
    if y in r {
      var k :| 0 <= k < |r| && r[k] == y;
      if k < i { assert r[k] == s[k]; } else { assert r[k] == s[k + 1]; }
    }
    if y in s && y != s[i] {
      var k :| 0 <= k < |s| && s[k] == y;
      if k < i { assert r[k] == y; } else { assert r[k - 1] == y; }
    }
  }

  lemma RemoveAtNoDup<T>(s: seq<T>, i: nat)
    requires i < |s| && NoDup(s)
    ensures NoDup(RemoveAt(s, i))
  {
    var r := RemoveAt(s, i);
    forall a, b | 0 <= a < b < |r| ensures r[a] != r[b] {
      var a' := if a < i then a else a + 1;
      var b' := if b < i then b else b + 1;
      assert r[a] == s[a'] && r[b] == s[b'];
    }
  }

  lemma InsertAtMembership<T>(s: seq<T>, i: nat, x: T, y: T)
    requires i <= |s|
    ensures y in InsertAt(s, i, x) <==> y in s || y == x
  {
    var r := InsertAt(s, i, x);
    if y in s {
      var k :| 0 <= k < |s| && s[k] == y;
      if k < i { assert r[k] == y; } else { assert r[k + 1] == y; }
    }
    if y in r {
      var k :| 0 <= k < |r| && r[k] == y;
      if k < i { assert r[k] == s[k]; } else if k > i { assert r[k] == s[k - 1]; }
    }
  }

  lemma InsertAtNoDup<T>(s: seq<T>, i: nat, x: T)
    requires i <= |s| && NoDup(s) && x !in s
    ensures NoDup(InsertAt(s, i, x))
  {
    var r := InsertAt(s, i, x);
    forall a, b | 0 <= a < b < |r| ensures r[a] != r[b] {
      if a == i {
        assert r[b] == s[b - 1];
      } else if b == i {
        assert r[a] == s[a];
      } else {
        var a' := if a < i then a else a - 1;
        var b' := if b < i then b else b - 1;
        assert r[a] == s[a'] && r[b] == s[b'];
      }
    }
  }

  /** Two sequences with the same multiset have the same members. */
  lemma MultisetMembership<T>(a: seq<T>, b: seq<T>, y: T)
    requires multiset(a) == multiset(b)
    ensures y in a <==> y in b
  {
    assert y in a <==> y in multiset(a);
    assert y in b <==> y in multiset(b);
  }

  /** A permutation of a duplicate-free sequence is duplicate-free. */
  lemma PermutationNoDup<T>(a: seq<T>, b: seq<T>)
    requires multiset(a) == multiset(b) && NoDup(a)
    ensures NoDup(b)
  {
    forall i, j | 0 <= i < j < |b| ensures b[i] != b[j] {
      if b[i] == b[j] {
        var x := b[i];
        assert b == b[..i] + [b[i]] + b[i + 1..j] + [b[j]] + b[j + 1..];
        assert multiset(b)[x] >= 2;
        NoDupCount(a, x);
        assert false;
      }
    }
  }

  /** In a duplicate-free sequence every value occurs at most once. */
  lemma {:induction false} NoDupCount<T>(s: seq<T>, x: T)
    requires NoDup(s)
    ensures multiset(s)[x] <= 1
  {
    if |s| > 0 {
      assert s == [s[0]] + s[1..];
      assert NoDup(s[1..]) by {
        forall i, j | 0 <= i < j < |s[1..]| ensures s[1..][i] != s[1..][j] {
          assert s[1..][i] == s[i + 1] && s[1..][j] == s[j + 1];
        }
      }
      NoDupCount(s[1..], x);
      if s[0] == x {
        assert x !in s[1..] by {
          forall k | 0 <= k < |s[1..]| ensures s[1..][k] != x {
            assert s[1..][k] == s[k + 1];
          }
        }
        assert multiset(s[1..])[x] == 0;
      }
    }
  }

  /** The first-occurrence deduplication that `[...new Set(s)]` performs. */
  function Dedup<T(==,!new)>(s: seq<T>): (r: seq<T>)
    ensures NoDup(r)
    ensures forall x :: x in r <==> x in s
  {
    if |s| == 0 then []
    else
      var r := Dedup(s[..|s| - 1]);
      assert forall x :: x in s <==> x in s[..|s| - 1] || x == s[|s| - 1] by {
        assert s == s[..|s| - 1] + [s[|s| - 1]];
      }
      if s[|s| - 1] in r then r else r + [s[|s| - 1]]
  }

  /** A duplicate-free prefix survives deduplication unchanged: `[...new Set([...a, ...b])]`
      starts with `a` whenever `a` had no duplicates. */
  lemma {:induction false} DedupKeepsPrefix<T(!new)>(a: seq<T>, b: seq<T>)
    requires NoDup(a)
    ensures |a| <= |Dedup(a + b)| && Dedup(a + b)[..|a|] == a
    decreases |b|
  {
    if |b| == 0 {
      assert a + b == a;
      DedupOfNoDup(a);
    } else {
      var b' := b[..|b| - 1];
      assert (a + b)[..|a + b| - 1] == a + b';
      DedupKeepsPrefix(a, b');
    }
  }

  /** Deduplication keeps the first element in front. */
  lemma DedupFirst<T(!new)>(s: seq<T>)
    requires |s| > 0
    ensures |Dedup(s)| > 0 && Dedup(s)[0] == s[0]
  {
    DedupKeepsPrefix([s[0]], s[1..]);
    assert [s[0]] + s[1..] == s;
  }

  /** Deduplication is the identity on duplicate-free sequences. */
  lemma {:induction false} DedupOfNoDup<T(!new)>(s: seq<T>)
    requires NoDup(s)
    ensures Dedup(s) == s
  {
    if |s| > 0 {
      var init := s[..|s| - 1];
      assert NoDup(init) by {
        forall i, j | 0 <= i < j < |init| ensures init[i] != init[j] {
          assert init[i] == s[i] && init[j] == s[j];
        }
      }
      DedupOfNoDup(init);
      assert s[|s| - 1] !in init by {
        forall k | 0 <= k < |init| ensures init[k] != s[|s| - 1] {
          assert init[k] == s[k];
        }
      }
      assert s == init + [s[|s| - 1]];
    }
  }

  /** `Array.prototype.findIndex`: the first index whose element satisfies `p`. */
  function FindIndex<T>(s: seq<T>, p: T -> bool): (r: Option<nat>)
    ensures r.Some? ==> r.value < |s| && p(s[r.value]) && forall j | 0 <= j < r.value :: !p(s[j])
    ensures r.None? ==> forall j | 0 <= j < |s| :: !p(s[j])
  {
    if |s| == 0 then None
    else if p(s[0]) then Some(0)
    else match FindIndex(s[1..], p)
      case None => None
      case Some(k) => Some(k + 1)
  }

  /** An index is the one `findIndex` returns exactly when its element
      satisfies `p` and no element before it does. */
  lemma FindIndexIs<T>(s: seq<T>, p: T -> bool, i: nat)
    requires i < |s| && p(s[i]) && forall j | 0 <= j < i :: !p(s[j])
    ensures FindIndex(s, p) == Some(i)
  {
  }

  /** `const i = a.findIndex(p); if (i !== -1) a[i] = f(a[i]);` */
  function UpdateFirst<T>(s: seq<T>, p: T -> bool, f: T -> T): (r: seq<T>)
    ensures |r| == |s|
    ensures FindIndex(s, p).None? ==> r == s
    ensures FindIndex(s, p).Some? ==>
      var i := FindIndex(s, p).value;
      r[i] == f(s[i]) && forall k | 0 <= k < |s| && k != i :: r[k] == s[k]
  {
    match FindIndex(s, p)
    case None => s
    case Some(i) => s[i := f(s[i])]
  }

  /** The first index at which `x` occurs, or `|s|` when it does not occur. */
  function IndexOf<T(==)>(s: seq<T>, x: T): (i: nat)
    ensures i <= |s|
    ensures i < |s| ==> s[i] == x
    ensures forall k | 0 <= k < i :: s[k] != x
    ensures i == |s| <==> x !in s
  {
    if |s| == 0 then 0
    else if s[0] == x then 0
    else 1 + IndexOf(s[1..], x)
  }

  /** The suffix left after dropping the leading elements that satisfy `p`. */
  function DropWhile<T>(s: seq<T>, p: T -> bool): (r: seq<T>)
    ensures |r| <= |s| && r == s[|s| - |r|..]
    ensures forall k | 0 <= k < |s| - |r| :: p(s[k])
    ensures |r| > 0 ==> !p(r[0])
  {
    if |s| == 0 || !p(s[0]) then s
    else DropWhile(s[1..], p)
  }

  /** `s.filter(x => !keys.has(x))`: the elements outside `keys`, in order. */
  function Without<T(==,!new)>(s: seq<T>, keys: set<T>): (r: seq<T>)
    ensures |r| <= |s|
    ensures forall x :: x in r <==> x in s && x !in keys
    ensures NoDup(s) ==> NoDup(r)
    ensures (forall i | 0 <= i < |s| :: s[i] !in keys) ==> r == s
  {
    if |s| == 0 then []
    else
      var rest := Without(s[1..], keys);
      assert NoDup(s) ==> NoDup(s[1..]) && s[0] !in s[1..] by {
        if NoDup(s) {
          assert forall i, j | 0 <= i < j < |s[1..]| :: s[1..][i] == s[i + 1] && s[1..][j] == s[j + 1];
          assert forall k | 0 <= k < |s[1..]| :: s[1..][k] == s[k + 1];
        }
      }
      assert forall x :: x in s <==> x == s[0] || x in s[1..] by {
        assert s == [s[0]] + s[1..];
      }
      if s[0] in keys then rest
      else
        assert NoDup(s) ==> NoDup([s[0]] + rest) by {
          if NoDup(s) {
            forall i, j | 0 <= i < j < |[s[0]] + rest| ensures ([s[0]] + rest)[i] != ([s[0]] + rest)[j] {
              if i == 0 {
                assert ([s[0]] + rest)[j] == rest[j - 1];
                assert rest[j - 1] in rest;
              } else {
                assert ([s[0]] + rest)[i] == rest[i - 1] && ([s[0]] + rest)[j] == rest[j - 1];
              }
            }
          }
        }
        assert (forall i | 0 <= i < |s| :: s[i] !in keys) ==> [s[0]] + rest == s by {
          if forall i | 0 <= i < |s| :: s[i] !in keys {
            assert forall i | 0 <= i < |s[1..]| :: s[1..][i] !in keys by {
              assert forall i | 0 <= i < |s[1..]| :: s[1..][i] == s[i + 1];
            }
          }
        }
        [s[0]] + rest
  }

  /** Removing elements keeps the survivors in their original order. */
  lemma {:induction false} WithoutIsSubseq<T(!new)>(s: seq<T>, keys: set<T>)
    ensures IsSubseq(Without(s, keys), s)
  {
    if |s| > 0 {
      WithoutIsSubseq(s[1..], keys);
      if s[0] in keys {
        SubseqDropHead(Without(s[1..], keys), s);
      }
    }
  }

  /** Removing two sets one after the other removes their union. */
  lemma {:induction false} WithoutWithout<T(!new)>(s: seq<T>, a: set<T>, b: set<T>)
    ensures Without(Without(s, a), b) == Without(s, a + b)
  {
    if |s| > 0 {
      WithoutWithout(s[1..], a, b);
      if s[0] !in a {
        assert Without(s, a)[1..] == Without(s[1..], a);
      }
    }
  }

  /** Removing from a list with one more element at the end. */
  lemma {:induction false} WithoutSnoc<T(!new)>(s: seq<T>, x: T, keys: set<T>)
    ensures Without(s + [x], keys) == Without(s, keys) + (if x in keys then [] else [x])
  {
    if |s| == 0 {
      assert s + [x] == [x];
    } else {
      assert (s + [x])[1..] == s[1..] + [x];
      WithoutSnoc(s[1..], x, keys);
    }
  }

  /** `m[k] || d` on a map whose values are never falsy: the stored value, or `d`. */
  function Lookup<K, V>(m: map<K, V>, k: K, d: V): (r: V)
    ensures k in m ==> r == m[k]
    ensures k !in m ==> r == d
  {
    if k in m then m[k] else d
  }

  /** Writing every element of `s` into `acc` under its key, in order
      (`s.forEach(x => acc[key(x)] = x)`, or the same as a `reduce`): a later
      element overwrites an earlier one with the same key. */
  function IndexBy<K(!new), V>(acc: map<K, V>, s: seq<V>, key: V -> K): (r: map<K, V>)
    ensures forall k :: k in r <==> k in acc || exists i | 0 <= i < |s| :: key(s[i]) == k
    ensures forall i | 0 <= i < |s| && (forall j | i < j < |s| :: key(s[j]) != key(s[i])) :: r[key(s[i])] == s[i]
    ensures forall k | k in acc && (forall i | 0 <= i < |s| :: key(s[i]) != k) :: r[k] == acc[k]
    decreases |s|
  {
    if |s| == 0 then acc
    else
      var init := s[..|s| - 1];
      var rest := IndexBy(acc, init, key);
      assert forall i | 0 <= i < |init| :: init[i] == s[i];
      rest[key(s[|s| - 1]) := s[|s| - 1]]
  }

  /** `if (!a.includes(x)) a.push(x)`. */
  function PushNew<T(==,!new)>(s: seq<T>, x: T): (r: seq<T>)
    ensures x in s ==> r == s
    ensures x !in s ==> r == s + [x]
    ensures forall y :: y in r <==> y in s || y == x
    ensures NoDup(s) ==> NoDup(r)
  {
    if x in s then s
    else
      assert NoDup(s) ==> NoDup(s + [x]) by {
        if NoDup(s) {
          forall i, j | 0 <= i < j < |s + [x]| ensures (s + [x])[i] != (s + [x])[j] {
            assert (s + [x])[i] == s[i] && s[i] in s;
          }
        }
      }
      s + [x]
  }

  /** Filtering a list whose keys are distinct leaves a list whose keys are
      distinct. */
  lemma {:induction false} FilterKeysNoDup<T(!new), K>(s: seq<T>, p: T -> bool, key: T -> K)
    requires NoDup(Map(s, key))
    ensures NoDup(Map(Filter(s, p), key))
  {
    if |s| > 0 {
      var t := s[1..];
      assert Map(t, key) == Map(s, key)[1..];
      NoDupTail(Map(s, key));
      FilterKeysNoDup(t, p, key);
      if p(s[0]) {
        HeadKeyNotFiltered(s, p, key);
        KeptHeadNoDup(s, p, key);
      } else {
        assert Filter(s, p) == Filter(t, p);
      }
    }
  }

  /** A kept first element whose key the kept rest lacks keeps the keys distinct. */
  lemma KeptHeadNoDup<T(!new), K>(s: seq<T>, p: T -> bool, key: T -> K)
    requires |s| > 0 && p(s[0])
    requires NoDup(Map(Filter(s[1..], p), key)) && key(s[0]) !in Map(Filter(s[1..], p), key)
    ensures NoDup(Map(Filter(s, p), key))
  {
    var f := Filter(s[1..], p);
    assert Filter(s, p) == [s[0]] + f;
    MapCons(s[0], f, key);
    NoDupCons(key(s[0]), Map(f, key));
  }

  /** Mapping a list with a first element maps the element, then the rest. */
  lemma MapCons<T, U>(x: T, t: seq<T>, g: T -> U)
    ensures Map([x] + t, g) == [g(x)] + Map(t, g)
  {
    var a, b := Map([x] + t, g), [g(x)] + Map(t, g);
    forall i | 0 <= i < |a| ensures a[i] == b[i] {
      if i > 0 {
        assert ([x] + t)[i] == t[i - 1];
      }
    }
  }

  /** With distinct keys, the first element's key is not among the kept
      keys of the rest. */
  lemma HeadKeyNotFiltered<T(!new), K>(s: seq<T>, p: T -> bool, key: T -> K)
    requires |s| > 0 && NoDup(Map(s, key))
    ensures key(s[0]) !in Map(Filter(s[1..], p), key)
  {
    var t := s[1..];
    var ks := Map(s, key);
    var rest := Map(Filter(t, p), key);
    forall n | 0 <= n < |rest| ensures rest[n] != key(s[0]) {
      var u := Filter(t, p)[n];
      assert u in t;
      var m :| 0 <= m < |t| && t[m] == u;
      assert rest[n] == ks[m + 1] && ks[0] == key(s[0]);
    }
  }

  lemma NoDupTail<T>(s: seq<T>)
    requires |s| > 0 && NoDup(s)
    ensures NoDup(s[1..])
  {
    forall i, j | 0 <= i < j < |s| - 1 ensures s[1..][i] != s[1..][j] {
      assert s[1..][i] == s[i + 1] && s[1..][j] == s[j + 1];
    }
  }

  lemma NoDupCons<T>(x: T, s: seq<T>)
    requires NoDup(s) && x !in s
    ensures NoDup([x] + s)
  {
    forall i, j | 0 <= i < j < |s| + 1 ensures ([x] + s)[i] != ([x] + s)[j] {
      assert ([x] + s)[j] == s[j - 1];
      if i > 0 {
        assert ([x] + s)[i] == s[i - 1];
      }
    }
  }

  /** Two successive `filter` calls keep what one call with both tests keeps. */
  lemma {:induction false} FilterFilter<T(!new)>(s: seq<T>, p: T -> bool, q: T -> bool)
    ensures Filter(Filter(s, p), q) == Filter(s, x => p(x) && q(x))
  {
    if |s| > 0 {
      FilterFilter(s[1..], p, q);
      if p(s[0]) {
        assert Filter(s, p) == [s[0]] + Filter(s[1..], p);
        assert Filter(s, p)[1..] == Filter(s[1..], p);
      }
    }
  }

  /** Two successive `filter` calls keep what one call with a test
      equivalent to both keeps. */
  lemma FilterFilterAs<T(!new)>(s: seq<T>, p: T -> bool, q: T -> bool, w: T -> bool)
    requires forall x :: w(x) == (p(x) && q(x))
    ensures Filter(Filter(s, p), q) == Filter(s, w)
  {
    FilterFilter(s, p, q);
    FilterExt(s, x => p(x) && q(x), w);
  }

  /** Filtering depends only on what the test says about the elements present. */
  lemma {:induction false} FilterExt<T(!new)>(s: seq<T>, p: T -> bool, q: T -> bool)
    requires forall i | 0 <= i < |s| :: p(s[i]) == q(s[i])
    ensures Filter(s, p) == Filter(s, q)
  {
    if |s| > 0 {
      assert forall i | 0 <= i < |s[1..]| :: p(s[1..][i]) == q(s[1..][i]) by {
        forall i | 0 <= i < |s[1..]| ensures p(s[1..][i]) == q(s[1..][i]) {
          assert s[1..][i] == s[i + 1];
        }
      }
      FilterExt(s[1..], p, q);
    }
  }

  /** `if (on) s = s.filter(p)`: a filter stage that only runs when switched on. */
  function FilterIf<T(!new)>(s: seq<T>, on: bool, p: T -> bool): (r: seq<T>)
    ensures r == Filter(s, x => !on || p(x))
  {
    if on then
      FilterExt(s, p, x => !on || p(x));
      Filter(s, p)
    else
      FilterAll(s, x => !on || p(x));
      s
  }

  /** A switchable filter stage is a filter by the test "off, or `p`". */
  lemma FilterIfAs<T(!new)>(s: seq<T>, on: bool, p: T -> bool, w: T -> bool)
    requires forall x :: w(x) == (!on || p(x))
    ensures FilterIf(s, on, p) == Filter(s, w)
  {
    FilterExt(s, x => !on || p(x), w);
  }

  /** The number of elements `p` holds for. */
  function Count<T(!new)>(s: seq<T>, p: T -> bool): (n: nat)
    ensures n <= |s|
  {
    |Filter(s, p)|
  }

  /** `sum over k in ks of f(k)`. */
  function SumOver<K>(ks: seq<K>, f: K -> int): int {
    if |ks| == 0 then 0 else f(ks[0]) + SumOver(ks[1..], f)
  }

  /** The test "carries key `k`". */
  function KeyIs<T, K(==)>(key: T -> K, k: K): T -> bool {
    x => key(x) == k
  }

  /** How many elements of `s` carry key `k`. */
  function CountKey<T(!new), K(==)>(s: seq<T>, key: T -> K, k: K): (n: nat)
    ensures n <= |s|
  {
    Count(s, KeyIs(key, k))
  }

  /** Among distinct keys, exactly one is `key(x)` when `key(x)` is listed. */
  lemma {:induction false} SumOfIndicator<K>(ks: seq<K>, k: K)
    requires NoDup(ks)
    ensures SumOver(ks, j => if j == k then 1 else 0) == (if k in ks then 1 else 0)
  {
    if |ks| > 0 {
      assert NoDup(ks[1..]) by {
        forall i, j | 0 <= i < j < |ks[1..]| ensures ks[1..][i] != ks[1..][j] {
          assert ks[1..][i] == ks[i + 1] && ks[1..][j] == ks[j + 1];
        }
      }
      SumOfIndicator(ks[1..], k);
      if ks[0] == k {
        assert k !in ks[1..] by {
          forall i | 0 <= i < |ks[1..]| ensures ks[1..][i] != k {
            assert ks[1..][i] == ks[i + 1];
          }
        }
      }
      assert k in ks <==> ks[0] == k || k in ks[1..] by {
        assert ks == [ks[0]] + ks[1..];
      }
    }
  }

  /** A sum of two functions is the sum of the two sums. */
  lemma {:induction false} SumOverAdd<K>(ks: seq<K>, f: K -> int, g: K -> int, h: K -> int)
    requires forall i | 0 <= i < |ks| :: h(ks[i]) == f(ks[i]) + g(ks[i])
    ensures SumOver(ks, h) == SumOver(ks, f) + SumOver(ks, g)
  {
    if |ks| > 0 {
      assert forall i | 0 <= i < |ks[1..]| :: h(ks[1..][i]) == f(ks[1..][i]) + g(ks[1..][i]) by {
        forall i | 0 <= i < |ks[1..]| ensures h(ks[1..][i]) == f(ks[1..][i]) + g(ks[1..][i]) {
          assert ks[1..][i] == ks[i + 1];
        }
      }
      SumOverAdd(ks[1..], f, g, h);
    }
  }

  /** Counting per key over distinct keys that cover every element counts
      each element exactly once. */
  lemma {:induction false} CountsCover<T(!new), K>(s: seq<T>, key: T -> K, ks: seq<K>)
    requires NoDup(ks)
    requires forall i | 0 <= i < |s| :: key(s[i]) in ks
    ensures SumOver(ks, k => CountKey(s, key, k)) == |s|
    decreases |s|
  {
    if |s| == 0 {
      SumZero(ks, k => CountKey(s, key, k));
    } else {
      var init, x := s[..|s| - 1], s[|s| - 1];
      assert s == init + [x];
      CountsCover(init, key, ks);
      forall k ensures CountKey(s, key, k) == CountKey(init, key, k) + (if k == key(x) then 1 else 0) {
        FilterSnoc(init, x, KeyIs(key, k));
      }
      SumOverAdd(ks, k => CountKey(init, key, k), j => if j == key(x) then 1 else 0, k => CountKey(s, key, k));
      SumOfIndicator(ks, key(x));
    }
  }

  lemma {:induction false} SumZero<K>(ks: seq<K>, f: K -> int)
    requires forall i | 0 <= i < |ks| :: f(ks[i]) == 0
    ensures SumOver(ks, f) == 0
  {
    if |ks| > 0 {
      assert forall i | 0 <= i < |ks[1..]| :: f(ks[1..][i]) == 0 by {
        forall i | 0 <= i < |ks[1..]| ensures f(ks[1..][i]) == 0 {
          assert ks[1..][i] == ks[i + 1];
        }
      }
      SumZero(ks[1..], f);
    }
  }

  /** `Math.max(0, n)`. */
  function MaxZero(n: int): (r: nat)
    ensures r >= n && (n >= 0 ==> r == n)
  {
    if n < 0 then 0 else n
  }
}
