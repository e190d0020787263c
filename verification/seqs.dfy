/** Generic sequence helpers that mirror Python list idioms. */
module Seqs {

  /** Python's `xs[:n]` for any integer `n` (a negative `n` drops from the end). */
  function Prefix<T>(xs: seq<T>, n: int): (r: seq<T>)
    ensures |r| <= |xs|
    ensures r == xs[..|r|]
    ensures n >= 0 ==> |r| == if n < |xs| then n else |xs|
    ensures n < 0 ==> |r| == if |xs| + n > 0 then |xs| + n else 0
  {
    if n >= 0 then (if n < |xs| then xs[..n] else xs)
    else if |xs| + n > 0 then xs[..|xs| + n] else []
  }

  /** List comprehension `[x for x in xs if f(x)]`. */
  function Filter<T>(f: T -> bool, xs: seq<T>): (r: seq<T>)
    ensures |r| <= |xs|
    ensures forall i :: 0 <= i < |r| ==> f(r[i])
    ensures forall i :: 0 <= i < |r| ==> r[i] in xs
    ensures forall i :: 0 <= i < |xs| && f(xs[i]) ==> xs[i] in r
  {
    if |xs| == 0 then []
    else if f(xs[0]) then [xs[0]] + Filter(f, xs[1..])
    else Filter(f, xs[1..])
  }

  /** The loop that appends each element passing `f` and breaks once `n`
      have been kept. The check follows the append, so a limit below 1 still
      keeps one element. It keeps the first `max(n, 1)` elements of the filter. */
  function FilterUpTo<T>(f: T -> bool, xs: seq<T>, n: int): (r: seq<T>)
    ensures r == Prefix(Filter(f, xs), if n < 1 then 1 else n)
    ensures |r| <= if n < 1 then 1 else n
    ensures forall i :: 0 <= i < |r| ==> f(r[i]) && r[i] in xs
    decreases |xs|
  {
    if |xs| == 0 then []
    else if f(xs[0]) then
      if n <= 1 then [xs[0]]
      else
        var rest := FilterUpTo(f, xs[1..], n - 1);
        assert Filter(f, xs) == [xs[0]] + Filter(f, xs[1..]);
        [xs[0]] + rest
    else FilterUpTo(f, xs[1..], n)
  }

  /** Whether `sub` can be obtained from `xs` by deleting elements (order kept). */
  predicate IsSubsequence<T(==)>(sub: seq<T>, xs: seq<T>)
    decreases |xs|
  {
    if |sub| == 0 then true
    else if |xs| == 0 then false
    else (sub[0] == xs[0] && IsSubsequence(sub[1..], xs[1..])) || IsSubsequence(sub, xs[1..])
  }

  lemma {:induction false} FilterIsSubsequence<T>(f: T -> bool, xs: seq<T>)
    ensures IsSubsequence(Filter(f, xs), xs)
    decreases |xs|
  {
    if |xs| > 0 {
      FilterIsSubsequence(f, xs[1..]);
      if f(xs[0]) {
        assert Filter(f, xs)[1..] == Filter(f, xs[1..]);
      }
    }
  }

  /** Filtering a concatenation filters each part. */
  lemma {:induction false} FilterConcat<T>(f: T -> bool, a: seq<T>, b: seq<T>)
    ensures Filter(f, a + b) == Filter(f, a) + Filter(f, b)
    decreases |a|
  {
    if |a| > 0 {
      FilterConcat(f, a[1..], b);
      assert (a + b)[1..] == a[1..] + b;
    } else {
      assert a + b == b;
    }
  }

  /** Filtering a sequence none of whose elements pass leaves nothing. */
  lemma {:induction false} FilterNone<T>(f: T -> bool, xs: seq<T>)
    requires forall i :: 0 <= i < |xs| ==> !f(xs[i])
    ensures Filter(f, xs) == []
    decreases |xs|
  {
    if |xs| > 0 {
      FilterNone(f, xs[1..]);
    }
  }

  /** Putting `x` at position `k` adds exactly one `x` to the multiset. */
  lemma {:induction false} InsertAt<T>(xs: seq<T>, x: T, k: nat)
    requires k <= |xs|
    ensures multiset(xs[..k] + [x] + xs[k..]) == multiset(xs) + multiset{x}
  {
    assert xs == xs[..k] + xs[k..];
  }

  /** A non-empty sequence is its front followed by its last element. */
  lemma Snoc<T>(xs: seq<T>)
    requires |xs| > 0
    ensures xs == xs[..|xs| - 1] + [xs[|xs| - 1]]
  {
  }

  /** A non-empty sequence is its first element followed by the rest. */
  lemma Cons<T>(xs: seq<T>)
    requires |xs| > 0
    ensures xs == [xs[0]] + xs[1..]
  {
  }
}
