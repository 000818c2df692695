/** The array operations the dashboard pages build their list updates from:
    `filter`, `map` with a per-entry replacement, `slice(0, n)`, `reduce` to a sum,
    and `[...new Set(xs)]`. */
module Seqs {

  /** An order-preserving subsequence: `xs` is `ys` with some entries left out. */
  predicate IsSubsequence<T(==)>(xs: seq<T>, ys: seq<T>)
    decreases |ys|
  {
    if xs == [] then true
    else if ys == [] then false
    else (xs[0] == ys[0] && IsSubsequence(xs[1..], ys[1..])) || IsSubsequence(xs, ys[1..])
  }

  predicate NoDuplicates<T(==)>(xs: seq<T>) {
    forall i, j :: 0 <= i < j < |xs| ==> xs[i] != xs[j]
  }

  /** `xs.filter(p)`: the entries satisfying `p`, in their original order. */
  function Filter<T(==)>(xs: seq<T>, p: T -> bool): (r: seq<T>)
    ensures |r| <= |xs|
    ensures forall i :: 0 <= i < |r| ==> r[i] in xs && p(r[i])
    ensures forall i :: 0 <= i < |xs| && p(xs[i]) ==> xs[i] in r
    decreases |xs|
  {
    if xs == [] then []
    else (if p(xs[0]) then [xs[0]] else []) + Filter(xs[1..], p)
  }

  /** A rejected first entry leaves nothing behind. */
  lemma FilterSkipsHead<T>(x: T, xs: seq<T>, p: T -> bool)
    requires !p(x)
    ensures Filter([x] + xs, p) == Filter(xs, p)
  {
    assert ([x] + xs)[0] == x && ([x] + xs)[1..] == xs;
  }

  lemma {:induction false} FilterIsSubsequence<T>(xs: seq<T>, p: T -> bool)
    ensures IsSubsequence(Filter(xs, p), xs)
    decreases |xs|
  {
    if xs != [] {
      FilterIsSubsequence(xs[1..], p);
      var rest := Filter(xs[1..], p);
      if p(xs[0]) {
        assert Filter(xs, p) == [xs[0]] + rest;
        assert ([xs[0]] + rest)[1..] == rest;
      } else {
        assert Filter(xs, p) == rest;
        if rest != [] {
          assert IsSubsequence(rest, xs[1..]);
        }
      }
    }
  }

  /** A filter that keeps everything is the identity (the "blank search shows the whole list" rule). */
  lemma {:induction false} FilterKeepsAll<T>(xs: seq<T>, p: T -> bool)
    requires forall i :: 0 <= i < |xs| ==> p(xs[i])
    ensures Filter(xs, p) == xs
    decreases |xs|
  {
    if xs != [] {
      FilterKeepsAll(xs[1..], p);
    }
  }

  /** Regrouping `h + (x + y)` as `(h + x) + y`, stated over names so that callers need no
      extensionality in their own context. */
  lemma Regroup<T>(h: seq<T>, x: seq<T>, y: seq<T>, z: seq<T>, u: seq<T>, v: seq<T>)
    requires z == x + y && u == h + z && v == h + x
    ensures u == v + y
  {
  }

  lemma {:induction false} FilterAppend<T>(xs: seq<T>, ys: seq<T>, p: T -> bool)
    ensures Filter(xs + ys, p) == Filter(xs, p) + Filter(ys, p)
    decreases |xs|
  {
    if xs != [] {
      assert (xs + ys)[1..] == xs[1..] + ys;
      FilterAppend(xs[1..], ys, p);
    } else {
      assert xs + ys == ys;
    }
  }

  /** JavaScript's `xs.slice(0, end)`: a negative `end` counts from the back, and the result is a prefix. */
  function Slice0<T>(xs: seq<T>, end: int): (r: seq<T>)
    ensures |r| == if end >= 0 then (if end <= |xs| then end else |xs|)
                   else (if |xs| + end >= 0 then |xs| + end else 0)
    ensures r == xs[..|r|]
  {
    if end >= 0 then (if end <= |xs| then xs[..end] else xs)
    else (if |xs| + end >= 0 then xs[..|xs| + end] else [])
  }

  lemma {:induction false} PrefixIsSubsequence<T>(xs: seq<T>, k: nat)
    requires k <= |xs|
    ensures IsSubsequence(xs[..k], xs)
    decreases |xs|
  {
    if k > 0 {
      PrefixIsSubsequence(xs[1..], k - 1);
      assert xs[..k][1..] == xs[1..][..k - 1];
    }
  }

  lemma {:induction false} SubsequenceTransitive<T>(xs: seq<T>, ys: seq<T>, zs: seq<T>)
    requires IsSubsequence(xs, ys) && IsSubsequence(ys, zs)
    ensures IsSubsequence(xs, zs)
    decreases |zs|, |ys|
  {
    if xs != [] {
      if xs[0] == ys[0] && IsSubsequence(xs[1..], ys[1..]) {
        if ys[0] == zs[0] && IsSubsequence(ys[1..], zs[1..]) {
          SubsequenceTransitive(xs[1..], ys[1..], zs[1..]);
        } else {
          SubsequenceTransitive(xs, ys, zs[1..]);
        }
      } else {
        if ys[0] == zs[0] && IsSubsequence(ys[1..], zs[1..]) {
          SubsequenceTransitive(xs, ys[1..], zs[1..]);
        } else {
          SubsequenceTransitive(xs, ys, zs[1..]);
        }
      }
    }
  }

  lemma {:induction false} SubsequenceMembers<T>(xs: seq<T>, ys: seq<T>)
    requires IsSubsequence(xs, ys)
    ensures forall x :: x in xs ==> x in ys
    decreases |ys|
  {
    if xs != [] {
      if xs[0] == ys[0] && IsSubsequence(xs[1..], ys[1..]) {
        SubsequenceMembers(xs[1..], ys[1..]);
        forall x | x in xs ensures x in ys {
          if x != xs[0] {
            assert x in xs[1..];
            assert x in ys[1..];
          }
        }
      } else {
        SubsequenceMembers(xs, ys[1..]);
      }
    }
  }

  /** `xs.map(x => target(x) ? f(x) : x)`: the entries `target` picks are rewritten, all others kept in place. */
  function UpdateWhere<T>(xs: seq<T>, target: T -> bool, f: T -> T): (r: seq<T>)
    ensures |r| == |xs|
    ensures forall i :: 0 <= i < |xs| ==> r[i] == if target(xs[i]) then f(xs[i]) else xs[i]
    decreases |xs|
  {
    if xs == [] then []
    else [if target(xs[0]) then f(xs[0]) else xs[0]] + UpdateWhere(xs[1..], target, f)
  }

  /** `xs.map(x => key(x) === k ? u : x)`: the entries with key `k` become `u`. */
  function ReplaceByKey<T, K(==)>(xs: seq<T>, key: T -> K, k: K, u: T): (r: seq<T>)
    ensures |r| == |xs|
    ensures forall i :: 0 <= i < |xs| ==> r[i] == if key(xs[i]) == k then u else xs[i]
    decreases |xs|
  {
    if xs == [] then []
    else [if key(xs[0]) == k then u else xs[0]] + ReplaceByKey(xs[1..], key, k, u)
  }

  /** `xs.filter(x => key(x) !== k)`. */
  function RemoveByKey<T, K(==)>(xs: seq<T>, key: T -> K, k: K): (r: seq<T>)
    ensures |r| <= |xs|
    ensures forall i :: 0 <= i < |r| ==> key(r[i]) != k
    decreases |xs|
  {
    if xs == [] then []
    else (if key(xs[0]) != k then [xs[0]] else []) + RemoveByKey(xs[1..], key, k)
  }

  /** Removing by key keeps every other entry, in order. */
  lemma {:induction false} RemoveByKeyKeepsOthers<T, K>(xs: seq<T>, key: T -> K, k: K)
    ensures IsSubsequence(RemoveByKey(xs, key, k), xs)
    ensures forall i :: 0 <= i < |xs| && key(xs[i]) != k ==> xs[i] in RemoveByKey(xs, key, k)
    decreases |xs|
  {
    if xs != [] {
      RemoveByKeyKeepsOthers(xs[1..], key, k);
      var rest := RemoveByKey(xs[1..], key, k);
      if key(xs[0]) != k {
        assert RemoveByKey(xs, key, k) == [xs[0]] + rest;
        assert ([xs[0]] + rest)[1..] == rest;
      } else {
        assert RemoveByKey(xs, key, k) == rest;
      }
      forall i | 0 <= i < |xs| && key(xs[i]) != k ensures xs[i] in RemoveByKey(xs, key, k) {
        if i > 0 {
          assert xs[i] == xs[1..][i - 1];
        }
      }
    }
  }

  /** Without an entry of key `k`, removing by `k` changes nothing. */
  lemma {:induction false} RemoveAbsentKey<T, K>(xs: seq<T>, key: T -> K, k: K)
    requires forall i :: 0 <= i < |xs| ==> key(xs[i]) != k
    ensures RemoveByKey(xs, key, k) == xs
    decreases |xs|
  {
    if xs != [] {
      RemoveAbsentKey(xs[1..], key, k);
      assert [xs[0]] + xs[1..] == xs;
    }
  }

  /** Replacing the entries of key `k` by a `u` of that key, then removing key `k`, is the
      same as removing key `k` at once. */
  lemma {:induction false} RemoveAfterReplace<T, K>(xs: seq<T>, key: T -> K, k: K, u: T)
    requires key(u) == k
    ensures RemoveByKey(ReplaceByKey(xs, key, k, u), key, k) == RemoveByKey(xs, key, k)
    decreases |xs|
  {
    if xs != [] {
      var r := ReplaceByKey(xs, key, k, u);
      assert r[1..] == ReplaceByKey(xs[1..], key, k, u);
      RemoveAfterReplace(xs[1..], key, k, u);
    }
  }

  /** Without an entry of key `k`, replacing by `k` changes nothing. */
  lemma {:induction false} ReplaceAbsentKey<T, K>(xs: seq<T>, key: T -> K, k: K, u: T)
    requires forall i :: 0 <= i < |xs| ==> key(xs[i]) != k
    ensures ReplaceByKey(xs, key, k, u) == xs
  {
    var r := ReplaceByKey(xs, key, k, u);
    forall i | 0 <= i < |xs| ensures r[i] == xs[i] {
      assert key(xs[i]) != k;
    }
  }

  /** Keeps the entries satisfying `p` when `apply` holds, and everything otherwise: a
      filter step guarded by an `if`. */
  function FilterWhen<T(==)>(apply: bool, xs: seq<T>, p: T -> bool): (r: seq<T>)
    ensures |r| <= |xs|
    ensures !apply ==> r == xs
  {
    if apply then Filter(xs, p) else xs
  }

  /** The guarded filter keeps an order-preserving selection of exactly the entries that
      pass `p` when it applies. */
  lemma FilterWhenSelects<T>(apply: bool, xs: seq<T>, p: T -> bool)
    ensures IsSubsequence(FilterWhen(apply, xs, p), xs)
    ensures forall i :: 0 <= i < |FilterWhen(apply, xs, p)| ==>
      FilterWhen(apply, xs, p)[i] in xs && (apply ==> p(FilterWhen(apply, xs, p)[i]))
    ensures forall i :: 0 <= i < |xs| && (apply ==> p(xs[i])) ==> xs[i] in FilterWhen(apply, xs, p)
  {
    if apply {
      FilterIsSubsequence(xs, p);
    } else {
      IsSubsequenceReflexive(xs);
    }
  }

  lemma {:induction false} IsSubsequenceReflexive<T>(xs: seq<T>)
    ensures IsSubsequence(xs, xs)
    decreases |xs|
  {
    if xs != [] {
      IsSubsequenceReflexive(xs[1..]);
    }
  }

  /** `xs.reduce((acc, x) => acc + f(x), 0)`. */
  function Sum<T>(xs: seq<T>, f: T -> int): int
    decreases |xs|
  {
    if xs == [] then 0 else f(xs[0]) + Sum(xs[1..], f)
  }

  lemma {:induction false} SumAppend<T>(xs: seq<T>, ys: seq<T>, f: T -> int)
    ensures Sum(xs + ys, f) == Sum(xs, f) + Sum(ys, f)
    decreases |xs|
  {
    if xs == [] {
      assert xs + ys == ys;
    } else {
      assert (xs + ys)[1..] == xs[1..] + ys;
      SumAppend(xs[1..], ys, f);
    }
  }

  /** Removing the entries `p` rejects takes their total out of the sum: the sum splits
      into the kept part and the part that `q`, the complement of `p`, keeps. */
  lemma {:induction false} SumSplitsByFilter<T>(xs: seq<T>, p: T -> bool, q: T -> bool, f: T -> int)
    requires forall x :: q(x) == !p(x)
    ensures Sum(xs, f) == Sum(Filter(xs, p), f) + Sum(Filter(xs, q), f)
    decreases |xs|
  {
    if xs != [] {
      SumSplitsByFilter(xs[1..], p, q, f);
      var keep := Filter(xs[1..], p);
      var drop := Filter(xs[1..], q);
      if p(xs[0]) {
        assert Filter(xs, p) == [xs[0]] + keep;
        assert ([xs[0]] + keep)[1..] == keep;
        assert Filter(xs, q) == drop;
      } else {
        assert Filter(xs, p) == keep;
        assert Filter(xs, q) == [xs[0]] + drop;
        assert ([xs[0]] + drop)[1..] == drop;
      }
    }
  }

  lemma {:induction false} SumNonNegative<T>(xs: seq<T>, f: T -> int)
    requires forall i :: 0 <= i < |xs| ==> f(xs[i]) >= 0
    ensures Sum(xs, f) >= 0
    decreases |xs|
  {
    if xs != [] {
      SumNonNegative(xs[1..], f);
    }
  }

  /** The position of the first occurrence of `x` (JavaScript's `indexOf`). */
  function IndexOf<T(==)>(xs: seq<T>, x: T): (i: nat)
    requires x in xs
    ensures i < |xs| && xs[i] == x
    ensures forall j :: 0 <= j < i ==> xs[j] != x
    decreases |xs|
  {
    if xs[0] == x then 0 else 1 + IndexOf(xs[1..], x)
  }

  lemma IndexOfInPrefix<T>(xs: seq<T>, k: nat, x: T)
    requires k <= |xs| && x in xs[..k]
    ensures x in xs && IndexOf(xs, x) == IndexOf(xs[..k], x)
  {
    var i := IndexOf(xs[..k], x);
    assert xs[..k][i] == xs[i];
    var j := IndexOf(xs, x);
    assert j <= i;
    assert xs[..k][j] == xs[j];
  }

  /** `r` lists entries of `xs` in the order of their first occurrence in `xs`. */
  ghost predicate InFirstOccurrenceOrder<T>(xs: seq<T>, r: seq<T>) {
    && (forall k :: 0 <= k < |r| ==> r[k] in xs)
    && (forall i, j :: 0 <= i < j < |r| ==> IndexOf(xs, r[i]) < IndexOf(xs, r[j]))
  }

  /** `[...new Set(xs)]`: each distinct entry once, in the order of its first occurrence. */
  function Distinct<T(==)>(xs: seq<T>): (r: seq<T>)
    ensures NoDuplicates(r)
    ensures forall i :: 0 <= i < |r| ==> r[i] in xs
    ensures forall i :: 0 <= i < |xs| ==> xs[i] in r
    decreases |xs|
  {
    if xs == [] then []
    else
      var d := Distinct(xs[..|xs| - 1]);
      var last := xs[|xs| - 1];
      assert forall i :: 0 <= i < |xs| - 1 ==> xs[i] == xs[..|xs| - 1][i];
      if last in d then d else d + [last]
  }

  /** Appending an element that is not yet present keeps a list free of repeats. */
  lemma AppendFresh<T>(xs: seq<T>, x: T)
    requires NoDuplicates(xs) && x !in xs
    ensures NoDuplicates(xs + [x])
  {
    var ys := xs + [x];
    forall i, j | 0 <= i < j < |ys| ensures ys[i] != ys[j] {
      assert ys[i] == xs[i];
      if j < |xs| {
        assert ys[j] == xs[j];
      }
    }
  }

  /** A list without repeats is its own distinct list. */
  lemma {:induction false} DistinctWithoutRepeats<T>(xs: seq<T>)
    requires NoDuplicates(xs)
    ensures Distinct(xs) == xs
    decreases |xs|
  {
    if xs != [] {
      var pre := xs[..|xs| - 1];
      DistinctWithoutRepeats(pre);
      assert xs[|xs| - 1] !in pre;
      assert pre + [xs[|xs| - 1]] == xs;
    }
  }

  lemma OrderInPrefixCarriesOver<T>(xs: seq<T>, k: nat, r: seq<T>)
    requires k <= |xs| && InFirstOccurrenceOrder(xs[..k], r)
    ensures InFirstOccurrenceOrder(xs, r)
    ensures forall m :: 0 <= m < |r| ==> IndexOf(xs, r[m]) < k
  {
    forall m | 0 <= m < |r| ensures r[m] in xs && IndexOf(xs, r[m]) == IndexOf(xs[..k], r[m]) {
      IndexOfInPrefix(xs, k, r[m]);
    }
  }

  lemma OrderAppendsFreshLast<T>(xs: seq<T>, d: seq<T>)
    requires |xs| > 0 && InFirstOccurrenceOrder(xs[..|xs| - 1], d)
    requires xs[|xs| - 1] !in xs[..|xs| - 1]
    ensures InFirstOccurrenceOrder(xs, d + [xs[|xs| - 1]])
  {
    var n := |xs|;
    var last := xs[n - 1];
    OrderInPrefixCarriesOver(xs, n - 1, d);
    forall j | 0 <= j < n - 1 ensures xs[j] != last {
      assert xs[j] == xs[..n - 1][j];
    }
    assert IndexOf(xs, last) == n - 1;
    var r := d + [last];
    forall i, j | 0 <= i < j < |r| ensures IndexOf(xs, r[i]) < IndexOf(xs, r[j]) {
      assert r[i] == d[i];
      if j < |d| {
        assert r[j] == d[j];
      }
    }
  }

  lemma {:induction false} DistinctKeepsFirstOccurrenceOrder<T>(xs: seq<T>)
    ensures InFirstOccurrenceOrder(xs, Distinct(xs))
    decreases |xs|
  {
    if xs != [] {
      var pre := xs[..|xs| - 1];
      DistinctKeepsFirstOccurrenceOrder(pre);
      if xs[|xs| - 1] in Distinct(pre) {
        OrderInPrefixCarriesOver(xs, |xs| - 1, Distinct(pre));
      } else {
        OrderAppendsFreshLast(xs, Distinct(pre));
      }
    }
  }
}
