/** Order-preserving list helpers shared by the registry, the admin model and the forms hub. */
module Seqs {

  /** `Array.prototype.filter`: the elements satisfying `p`, in their original order. */
  function Filter<T>(s: seq<T>, p: T -> bool): (r: seq<T>)
    ensures |r| <= |s|
    ensures forall i :: 0 <= i < |r| ==> p(r[i]) && r[i] in s
    ensures forall i :: 0 <= i < |s| && p(s[i]) ==> s[i] in r
    ensures multiset(r) <= multiset(s)
  {
    if s == [] then []
    else
      assert s == [s[0]] + s[1..];
      (if p(s[0]) then [s[0]] else []) + Filter(s[1..], p)
  }

  /** Filtering distributes over concatenation; with `FilterSingleton` this pins down
      the order of a filtered list completely. */
  lemma {:induction false} FilterAppend<T>(a: seq<T>, b: seq<T>, p: T -> bool)
    ensures Filter(a + b, p) == Filter(a, p) + Filter(b, p)
    decreases |a|
  {
    if a == [] {
      assert a + b == b;
    } else {
      assert (a + b)[1..] == a[1..] + b;
      FilterAppend(a[1..], b, p);
    }
  }

  lemma FilterSingleton<T>(x: T, p: T -> bool)
    ensures Filter([x], p) == if p(x) then [x] else []
  {
    assert [x][1..] == [];
  }

  /** A filter that every element passes changes nothing. */
  lemma {:induction false} FilterKeepsAll<T>(s: seq<T>, p: T -> bool)
    requires forall i :: 0 <= i < |s| ==> p(s[i])
    ensures Filter(s, p) == s
    decreases |s|
  {
    if s != [] {
      FilterKeepsAll(s[1..], p);
    }
  }

  /** `slice(0, n)`: at most the first `n` elements. */
  function Take<T>(s: seq<T>, n: nat): (r: seq<T>)
    ensures |r| == if |s| <= n then |s| else n
    ensures r <= s
  {
    if |s| <= n then s else s[..n]
  }

  /** The concatenation of `f(s[i], start + i)` over `s`: a per-element list of results,
      numbered from `start`, flattened in order. */
  function FlatMapFrom<T, U>(s: seq<T>, start: nat, f: (T, nat) -> seq<U>): seq<U>
    decreases |s|
  {
    if s == [] then [] else f(s[0], start) + FlatMapFrom(s[1..], start + 1, f)
  }

  /** The flattening is empty exactly when every element contributes nothing. */
  lemma {:induction false} FlatMapFromEmpty<T, U>(s: seq<T>, start: nat, f: (T, nat) -> seq<U>)
    ensures FlatMapFrom(s, start, f) == [] <==> forall i :: 0 <= i < |s| ==> f(s[i], start + i) == []
    decreases |s|
  {
    if s != [] {
      FlatMapFromEmpty(s[1..], start + 1, f);
      assert forall i :: 1 <= i < |s| ==> s[i] == s[1..][i - 1];
    }
  }

  /** A bound on each contribution bounds the whole. */
  lemma {:induction false} FlatMapFromBound<T, U>(s: seq<T>, start: nat, f: (T, nat) -> seq<U>, k: nat)
    requires forall i :: 0 <= i < |s| ==> |f(s[i], start + i)| <= k
    ensures |FlatMapFrom(s, start, f)| <= k * |s|
    decreases |s|
  {
    if s != [] {
      assert forall i :: 1 <= i < |s| ==> s[i] == s[1..][i - 1];
      FlatMapFromBound(s[1..], start + 1, f, k);
    }
  }

  /** Flattening a concatenation: the second part is numbered on from the first. */
  lemma {:induction false} FlatMapFromAppend<T, U>(a: seq<T>, b: seq<T>, start: nat, f: (T, nat) -> seq<U>)
    ensures FlatMapFrom(a + b, start, f) == FlatMapFrom(a, start, f) + FlatMapFrom(b, start + |a|, f)
    decreases |a|
  {
    if a == [] {
      assert a + b == b;
    } else {
      assert (a + b)[0] == a[0] && (a + b)[1..] == a[1..] + b;
      FlatMapFromAppend(a[1..], b, start + 1, f);
    }
  }

  /** Filtering out an element that fails the test makes the list strictly shorter. */
  lemma {:induction false} FilterDrops<T>(s: seq<T>, p: T -> bool, i: int)
    requires 0 <= i < |s| && !p(s[i])
    ensures |Filter(s, p)| < |s|
    decreases |s|
  {
    if i > 0 {
      FilterDrops(s[1..], p, i - 1);
    }
  }

  /** Taking `n + 1` from a list with a head is the head followed by `n` of the rest. */
  lemma TakeCons<T>(x: T, s: seq<T>, n: nat)
    ensures Take([x] + s, n + 1) == [x] + Take(s, n)
  {
  }
}
