/** Python's ordering of `str` values (code point by code point, a proper
    prefix first) and `sorted(set(xs))` under it. */
module StringOrder {

  predicate Less(a: string, b: string)
    decreases |a|
  {
    if |a| == 0 then |b| > 0
    else if |b| == 0 then false
    else if a[0] == b[0] then Less(a[1..], b[1..])
    else a[0] < b[0]
  }

  lemma {:induction false} Irreflexive(a: string)
    ensures !Less(a, a)
    decreases |a|
  {
    if |a| > 0 {
      Irreflexive(a[1..]);
    }
  }

  lemma {:induction false} Transitive(a: string, b: string, c: string)
    requires Less(a, b) && Less(b, c)
    ensures Less(a, c)
    decreases |a|
  {
    if |a| > 0 && a[0] == b[0] && b[0] == c[0] {
      Transitive(a[1..], b[1..], c[1..]);
    }
  }

  lemma {:induction false} Total(a: string, b: string)
    requires a != b
    ensures Less(a, b) || Less(b, a)
    decreases |a|
  {
    if |a| > 0 && |b| > 0 && a[0] == b[0] {
      assert a == [a[0]] + a[1..] && b == [b[0]] + b[1..];
      Total(a[1..], b[1..]);
    }
  }

  /** Strictly increasing, so also free of repeats. */
  predicate Ascending(xs: seq<string>) {
    forall i, j :: 0 <= i < j < |xs| ==> Less(xs[i], xs[j])
  }

  /** Puts `x` in its place, unless it is already there. */
  function Insert(xs: seq<string>, x: string): (r: seq<string>)
    requires Ascending(xs)
    ensures Ascending(r)
    ensures forall y :: y in r <==> y in xs || y == x
  {
    if |xs| == 0 then [x]
    else if xs[0] == x then xs
    else if Less(x, xs[0]) then
      assert forall j :: 0 <= j < |xs| ==> Less(x, xs[j]) by {
        forall j | 0 <= j < |xs|
          ensures Less(x, xs[j])
        {
          if j > 0 {
            Transitive(x, xs[0], xs[j]);
          }
        }
      }
      [x] + xs
    else
      Total(x, xs[0]);
      var rest := Insert(xs[1..], x);
      assert forall j :: 0 <= j < |rest| ==> Less(xs[0], rest[j]) by {
        forall j | 0 <= j < |rest|
          ensures Less(xs[0], rest[j])
        {
          if rest[j] != x {
            assert rest[j] in xs[1..];
          }
        }
      }
      [xs[0]] + rest
  }

  /** `sorted(set(xs))`. */
  function SortedSet(xs: seq<string>): (r: seq<string>)
    ensures Ascending(r)
    ensures forall y :: y in r <==> y in xs
  {
    if |xs| == 0 then []
    else
      var r := Insert(SortedSet(xs[..|xs| - 1]), xs[|xs| - 1]);
      assert forall y :: y in xs <==> y in xs[..|xs| - 1] || y == xs[|xs| - 1] by {
        assert xs == xs[..|xs| - 1] + [xs[|xs| - 1]];
      }
      r
  }

  lemma {:induction false} Asymmetric(a: string, b: string)
    ensures Less(a, b) ==> !Less(b, a)
  {
    Irreflexive(a);
    if Less(a, b) && Less(b, a) {
      Transitive(a, b, a);
    }
  }

  /** The head of an ascending sequence is below every other element. */
  lemma {:induction false} Least(a: seq<string>)
    requires Ascending(a) && |a| > 0
    ensures forall y :: y in a ==> y == a[0] || Less(a[0], y)
  {
  }

  lemma {:induction false} SameEmpty(a: seq<string>, b: seq<string>)
    requires forall y :: y in a <==> y in b
    ensures |a| == 0 <==> |b| == 0
  {
    if |a| > 0 {
      assert a[0] in a;
    }
    if |b| > 0 {
      assert b[0] in b;
    }
  }

  /** Two ascending sequences with the same elements are equal: the result
      of `sorted(set(..))` depends only on the set. */
  lemma {:induction false} AscendingUnique(a: seq<string>, b: seq<string>)
    requires Ascending(a) && Ascending(b)
    requires forall y :: y in a <==> y in b
    ensures a == b
    decreases |a|
  {
    SameEmpty(a, b);
    if |a| > 0 {
      assert a[0] in b && b[0] in a;
      Least(a);
      Least(b);
      Asymmetric(a[0], b[0]);
      assert a[0] == b[0];
      forall y
        ensures y in a[1..] <==> y in b[1..]
      {
        Irreflexive(a[0]);
        if y in a[1..] {
          var i :| 1 <= i < |a| && a[i] == y;
          assert y in b;
        }
        if y in b[1..] {
          var i :| 1 <= i < |b| && b[i] == y;
          assert y in a;
        }
      }
      AscendingUnique(a[1..], b[1..]);
      assert a == [a[0]] + a[1..] && b == [b[0]] + b[1..];
    }
  }
}
