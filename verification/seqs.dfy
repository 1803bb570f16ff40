/** Generic sequence operations behind the store's `Array.prototype` calls:
    `filter`, `filter(...).length`, `[...new Set(xs)]`, `sort` and `slice`. */
module Seqs {
  import opened Wrappers

  /** `a` can be obtained from `b` by deleting elements, keeping the order. */
  ghost predicate IsSubseq<T>(a: seq<T>, b: seq<T>)
    decreases |b|
  {
    || |a| == 0
    || (&& |b| > 0
        && ((a[0] == b[0] && IsSubseq(a[1..], b[1..])) || IsSubseq(a, b[1..])))
  }

  /** Every sequence is a subsequence of itself. */
  lemma {:induction false} IsSubseqRefl<T>(s: seq<T>)
    ensures IsSubseq(s, s)
    decreases |s|
  {
    if |s| > 0 {
      IsSubseqRefl(s[1..]);
    }
  }

  /** `Array.prototype.filter`: the elements of `s` that `keep` accepts,
      in their original order, each as often as `s` holds it. */
  function Filter<T(!new)>(s: seq<T>, keep: T -> bool): (r: seq<T>)
    ensures |r| <= |s|
    ensures forall x :: x in r <==> x in s && keep(x)
    ensures forall x :: multiset(r)[x] == if keep(x) then multiset(s)[x] else 0
    ensures IsSubseq(r, s)
    ensures (forall i :: 0 <= i < |s| ==> keep(s[i])) ==> r == s
  {
    if |s| == 0 then []
    else
      var rest := Filter(s[1..], keep);
      assert s == [s[0]] + s[1..];
      assert multiset(s) == multiset{s[0]} + multiset(s[1..]);
      if keep(s[0]) then
        assert ([s[0]] + rest)[1..] == rest;
        [s[0]] + rest
      else rest
  }

  /** `Array.prototype.find`: the first element of `s` that `test` accepts,
      or nothing when no element does. */
  function Find<T(==,!new)>(s: seq<T>, test: T -> bool): (r: Option<T>)
    ensures r.None? <==> forall i :: 0 <= i < |s| ==> !test(s[i])
    ensures r.Some? ==> exists k :: && 0 <= k < |s| && s[k] == r.value && test(s[k])
                                   && forall j :: 0 <= j < k ==> !test(s[j])
  {
    if |s| == 0 then None
    else if test(s[0]) then Some(s[0])
    else
      var r := Find(s[1..], test);
      if r.Some? then
        var k :| && 0 <= k < |s| - 1 && s[1..][k] == r.value && test(s[1..][k])
                 && forall j :: 0 <= j < k ==> !test(s[1..][j]);
        assert forall j :: 0 <= j < k + 1 ==> !test(s[j]) by {
          forall j | 0 <= j < k + 1 ensures !test(s[j]) {
            if j > 0 { assert s[j] == s[1..][j - 1]; }
          }
        }
        r
      else r
  }

  /** The number of elements of `s` that `keep` accepts
      (`s.filter(keep).length`). */
  function Count<T(!new)>(s: seq<T>, keep: T -> bool): nat {
    |Filter(s, keep)|
  }

  /** The complement of a test. */
  function Not<T>(keep: T -> bool): T -> bool {
    x => !keep(x)
  }

  /** Every element is accepted either by a test or by its complement. */
  lemma {:induction false} CountComplement<T(!new)>(s: seq<T>, keep: T -> bool)
    ensures Count(s, keep) + Count(s, Not(keep)) == |s|
  {
    if |s| > 0 {
      CountComplement(s[1..], keep);
    }
  }

  /** The index of the first occurrence of `x` in `s`. */
  function FirstIndex<T(==)>(s: seq<T>, x: T): (k: nat)
    requires x in s
    ensures k < |s| && s[k] == x
    ensures forall j :: 0 <= j < k ==> s[j] != x
  {
    if s[0] == x then 0 else 1 + FirstIndex(s[1..], x)
  }

  /** A prefix that contains `x` has the same first occurrence of `x`. */
  lemma {:induction false} FirstIndexInPrefix<T>(s: seq<T>, n: nat, x: T)
    requires n <= |s| && x in s[..n]
    ensures FirstIndex(s, x) == FirstIndex(s[..n], x)
  {
    var k := FirstIndex(s[..n], x);
    var m := FirstIndex(s, x);
    assert s[k] == x;
  }

  predicate NoDuplicates<T(==)>(s: seq<T>) {
    forall i, j :: 0 <= i < j < |s| ==> s[i] != s[j]
  }

  /** `[...new Set(s)]`: each value of `s` once, in order of first appearance. */
  function Distinct<T(==,!new)>(s: seq<T>): (r: seq<T>)
    ensures forall x :: x in r <==> x in s
    ensures NoDuplicates(r)
    ensures forall i, j :: 0 <= i < j < |r| ==> FirstIndex(s, r[i]) < FirstIndex(s, r[j])
  {
    if |s| == 0 then []
    else
      var n := |s| - 1;
      var d := Distinct(s[..n]);
      assert s == s[..n] + [s[n]];
      forall i | 0 <= i < |d|
        ensures FirstIndex(s, d[i]) == FirstIndex(s[..n], d[i])
      {
        FirstIndexInPrefix(s, n, d[i]);
      }
      if s[n] in d then d
      else
        assert FirstIndex(s, s[n]) == n;
        d + [s[n]]
  }

  /** `s` is ordered from the largest `key` to the smallest. */
  ghost predicate SortedDesc<T>(s: seq<T>, key: T -> int) {
    forall i, j :: 0 <= i < j < |s| ==> key(s[i]) >= key(s[j])
  }

  /** Inserts `x` into a descending sequence, in front of every element whose
      key is not larger than its own. */
  function InsertDesc<T>(x: T, s: seq<T>, key: T -> int): (r: seq<T>)
    requires SortedDesc(s, key)
    ensures SortedDesc(r, key)
    ensures multiset(r) == multiset(s) + multiset{x}
    ensures |r| == |s| + 1 && (r[0] == x || (|s| > 0 && r[0] == s[0]))
  {
    if |s| == 0 || key(x) >= key(s[0]) then [x] + s
    else
      var rest := InsertDesc(x, s[1..], key);
      assert s == [s[0]] + s[1..];
      assert key(s[0]) >= key(rest[0]);
      [s[0]] + rest
  }

  /** `[...s].sort((a, b) => key(b) - key(a))`: a stable sort from the largest
      key to the smallest; `s` itself is a value and is not changed. */
  function SortDesc<T>(s: seq<T>, key: T -> int): (r: seq<T>)
    ensures SortedDesc(r, key)
    ensures multiset(r) == multiset(s)
  {
    if |s| == 0 then []
    else
      assert s == [s[0]] + s[1..];
      InsertDesc(s[0], SortDesc(s[1..], key), key)
  }

  /** `s.slice(0, n)`. */
  function Take<T>(s: seq<T>, n: nat): (r: seq<T>)
    ensures |r| == if n < |s| then n else |s|
    ensures r == s[..|r|]
  {
    if n < |s| then s[..n] else s
  }

  /** The first `n` elements of a descending sequence are its largest: every
      element left out has a key no larger than any element kept. */
  lemma {:induction false} TakeSortedKeepsLargest<T>(s: seq<T>, key: T -> int, n: nat)
    requires SortedDesc(s, key)
    ensures multiset(Take(s, n)) <= multiset(s)
    ensures forall x, y :: x in multiset(s) - multiset(Take(s, n)) && y in Take(s, n) ==> key(x) <= key(y)
  {
    var t := Take(s, n);
    var rest := s[|t|..];
    assert s == t + rest;
    assert multiset(s) == multiset(t) + multiset(rest);
    forall x, y | x in multiset(s) - multiset(t) && y in t
      ensures key(x) <= key(y)
    {
      assert x in multiset(rest);
      var i :| 0 <= i < |rest| && rest[i] == x;
      var j :| 0 <= j < |t| && t[j] == y;
      assert s[j] == y && s[|t| + i] == x;
    }
  }
}
